/** The rows of mfa_recovery_codes and the statements on them (internal/mfa/recovery.go). */
module RecoveryTable {
  import opened Wrappers
  import opened Challenges
  import opened RecoveryCodes
  import opened Base64

  datatype CodeRow = CodeRow(plane: Plane, subject: nat, codeHash: string, usedAt: Option<int>)

  type Codes = map<nat, CodeRow>

  predicate Owned(row: CodeRow, plane: Plane, subject: nat) { row.plane == plane && row.subject == subject }

  function Unused(codes: Codes, plane: Plane, subject: nat): set<nat> {
    set id | id in codes && Owned(codes[id], plane, subject) && codes[id].usedAt.None?
  }

  /** The rows one code can spend. */
  function UnusedWith(codes: Codes, plane: Plane, subject: nat, codeHash: string): set<nat> {
    set id | id in codes && Owned(codes[id], plane, subject) && codes[id].usedAt.None? && codes[id].codeHash == codeHash
  }

  function SpentRows(codes: Codes, ids: set<nat>, now: int): Codes {
    map id | id in codes :: if id in ids then codes[id].(usedAt := Some(now)) else codes[id]
  }

  function Without(codes: Codes, plane: Plane, subject: nat): Codes {
    map id | id in codes && !Owned(codes[id], plane, subject) :: codes[id]
  }

  function NewCodes(plane: Plane, subject: nat, hashes: seq<string>, firstId: nat): Codes {
    if hashes == [] then map[]
    else
      var n := |hashes| - 1;
      NewCodes(plane, subject, hashes[..n], firstId)[firstId + n := CodeRow(plane, subject, hashes[n], None)]
  }

  lemma {:induction false} NewCodesAre(plane: Plane, subject: nat, hashes: seq<string>, firstId: nat)
    ensures forall id: nat :: id in NewCodes(plane, subject, hashes, firstId) <==> firstId <= id < firstId + |hashes|
    ensures forall id: nat :: id in NewCodes(plane, subject, hashes, firstId) ==>
              NewCodes(plane, subject, hashes, firstId)[id] == CodeRow(plane, subject, hashes[id - firstId], None)
  {
    if hashes != [] {
      NewCodesAre(plane, subject, hashes[..|hashes| - 1], firstId);
    }
  }

  lemma OneCodeMore(kept: Codes, plane: Plane, subject: nat, hashes: seq<string>, i: nat, firstId: nat)
    requires i < |hashes|
    ensures (kept + NewCodes(plane, subject, hashes[..i], firstId))[firstId + i := CodeRow(plane, subject, hashes[i], None)]
         == kept + NewCodes(plane, subject, hashes[..i + 1], firstId)
  {
    assert hashes[..i + 1][..i] == hashes[..i];
  }

  lemma {:induction false} NewCodesCount(plane: Plane, subject: nat, hashes: seq<string>, firstId: nat)
    ensures |NewCodes(plane, subject, hashes, firstId).Keys| == |hashes|
  {
    if hashes != [] {
      var rest := hashes[..|hashes| - 1];
      NewCodesCount(plane, subject, rest, firstId);
      NewCodesAre(plane, subject, rest, firstId);
      assert NewCodes(plane, subject, hashes, firstId).Keys
          == NewCodes(plane, subject, rest, firstId).Keys + {firstId + |rest|};
    }
  }

  /** The subject's rows are deleted and the new digests inserted. */
  function Replaced(codes: Codes, plane: Plane, subject: nat, hashes: seq<string>, firstId: nat): Codes {
    Without(codes, plane, subject) + NewCodes(plane, subject, hashes, firstId)
  }

  /** After a replacement the subject's unused codes are the new ones, each row one code; nobody else's changed. */
  lemma ReplacementLeavesTheNewSet(codes: Codes, plane: Plane, subject: nat, hashes: seq<string>, firstId: nat)
    requires forall id :: id in codes ==> id < firstId
    ensures var t := Replaced(codes, plane, subject, hashes, firstId);
            && |Unused(t, plane, subject)| == |hashes|
            && (forall id: nat :: id in Unused(t, plane, subject) <==> firstId <= id < firstId + |hashes|)
            && (forall id: nat :: id in Unused(t, plane, subject) ==> t[id].codeHash == hashes[id - firstId])
            && forall plane', subject' :: plane' != plane || subject' != subject ==>
                 Unused(t, plane', subject') == Unused(codes, plane', subject')
    ensures forall id: nat ::
              var t, added := Replaced(codes, plane, subject, hashes, firstId), firstId <= id < firstId + |hashes|;
              && (id in t <==> added || (id in codes && !(codes[id].plane == plane && codes[id].subject == subject)))
              && (id in t ==> t[id] == if added then CodeRow(plane, subject, hashes[id - firstId], None) else codes[id])
  {
    var added := NewCodes(plane, subject, hashes, firstId);
    NewCodesAre(plane, subject, hashes, firstId);
    NewCodesCount(plane, subject, hashes, firstId);
    UnusedReplaced(codes, added, plane, subject);
    forall plane', subject' | plane' != plane || subject' != subject
      ensures Unused(Replaced(codes, plane, subject, hashes, firstId), plane', subject') == Unused(codes, plane', subject')
    {
      UnrelatedUnused(codes, added, plane, subject, plane', subject');
    }
  }

  lemma UnusedReplaced(codes: Codes, added: Codes, plane: Plane, subject: nat)
    requires forall id :: id in added ==> id !in codes && Owned(added[id], plane, subject) && added[id].usedAt.None?
    ensures Unused(Without(codes, plane, subject) + added, plane, subject) == added.Keys
  {
  }

  lemma UnrelatedUnused(codes: Codes, added: Codes, plane: Plane, subject: nat, plane': Plane, subject': nat)
    requires forall id :: id in added ==> id !in codes && Owned(added[id], plane, subject)
    requires plane' != plane || subject' != subject
    ensures Unused(Without(codes, plane, subject) + added, plane', subject') == Unused(codes, plane', subject')
  {
  }

  class CodeTable {
    var rows: Codes
    var nextId: nat

    constructor (rows: Codes, nextId: nat)
      ensures this.rows == rows && this.nextId == nextId
    {
      this.rows := rows;
      this.nextId := nextId;
    }

    /** Deletes the subject's codes and inserts the new digests, row by row; statement number `fault` fails. */
    method ReplaceRecoveryCodes(plane: Plane, subject: nat, hashes: seq<string>, fault: nat) returns (ok: bool)
      modifies this
      ensures ok <==> fault > |hashes|
      ensures ok ==> rows == Replaced(old(rows), plane, subject, hashes, old(nextId)) && nextId == old(nextId) + |hashes|
    {
      if fault == 0 {
        return false;
      }
      rows := map id | id in rows && !(rows[id].plane == plane && rows[id].subject == subject) :: rows[id];
      ghost var firstId := nextId;
      for i := 0 to |hashes|
        invariant fault > i && nextId == firstId + i
        invariant rows == Without(old(rows), plane, subject) + NewCodes(plane, subject, hashes[..i], firstId)
      {
        if fault == i + 1 {
          return false;
        }
        OneCodeMore(Without(old(rows), plane, subject), plane, subject, hashes, i, firstId);
        rows := rows[nextId := CodeRow(plane, subject, hashes[i], None)];
        nextId := nextId + 1;
      }
      assert hashes[..|hashes|] == hashes;
      return true;
    }

    /** Spends the typed code; two calls with one code cannot both succeed. */
    method ConsumeRecoveryCode(upper: Upper, hashToken: string -> string, plane: Plane, subject: nat, code: string, now: int)
      returns (ok: bool)
      modifies this`rows
      ensures ok <==> Accepts(upper, hashToken, old(rows), plane, subject, code)
      ensures ok ==> rows == SpentRows(old(rows),
                UnusedWith(old(rows), plane, subject, hashToken(NormalizeRecoveryCode(upper, code))), now)
      ensures !ok ==> rows == old(rows)
      ensures !Accepts(upper, hashToken, rows, plane, subject, code)
      ensures var digest := hashToken(NormalizeRecoveryCode(upper, code));
              && (ok <==> NormalizeRecoveryCode(upper, code) != ""
                          && exists id :: id in old(rows) && old(rows)[id] == CodeRow(plane, subject, digest, None))
              && rows.Keys == old(rows).Keys
              && forall id :: id in rows ==>
                   rows[id] == if ok && old(rows)[id] == CodeRow(plane, subject, digest, None)
                               then CodeRow(plane, subject, digest, Some(now)) else old(rows)[id]
    {
      var normalized := NormalizeRecoveryCode(upper, code);
      if normalized == "" {
        return false;
      }
      var codeHash := hashToken(normalized);
      var affected := set id | id in rows && rows[id].plane == plane && rows[id].subject == subject
                               && rows[id].codeHash == codeHash && rows[id].usedAt.None?;
      assert affected == UnusedWith(rows, plane, subject, codeHash);
      assert forall id :: id in affected <==> id in rows && rows[id] == CodeRow(plane, subject, codeHash, None);
      if affected == {} {
        return false;
      }
      rows := map id | id in rows :: if id in affected then rows[id].(usedAt := Some(now)) else rows[id];
      return true;
    }

    method CountUnusedRecoveryCodes(plane: Plane, subject: nat) returns (count: nat)
      ensures count == |Unused(rows, plane, subject)|
      ensures forall id :: id in Unused(rows, plane, subject) <==>
                id in rows && rows[id] == CodeRow(plane, subject, rows[id].codeHash, None)
    {
      count := |set id | id in rows && rows[id].plane == plane && rows[id].subject == subject && rows[id].usedAt.None?|;
      assert (set id | id in rows && rows[id].plane == plane && rows[id].subject == subject && rows[id].usedAt.None?)
          == Unused(rows, plane, subject);
    }
  }

  predicate Accepts(upper: Upper, hashToken: string -> string, codes: Codes, plane: Plane, subject: nat, code: string) {
    var normalized := NormalizeRecoveryCode(upper, code);
    normalized != "" && UnusedWith(codes, plane, subject, hashToken(normalized)) != {}
  }

  /** The digests stored for freshly generated codes. */
  function Digests(upper: Upper, hashToken: string -> string, bufs: seq<Bytes>): (r: seq<string>)
    ensures |r| == |bufs|
  {
    seq(|bufs|, i requires 0 <= i < |bufs| => hashToken(NormalizeRecoveryCode(upper, Display(Raw(bufs[i])))))
  }

  /** Every code of a fresh set is accepted however it is retyped: any case, any dashes, white space around. */
  lemma FreshCodesAreAccepted(upper: Upper, hashToken: string -> string, codes: Codes, plane: Plane, subject: nat,
                              bufs: seq<Bytes>, firstId: nat, i: nat, typed: string)
    requires UpperLaw(upper) && i < |bufs| && bufs[i] != [] && Retypes(typed, Raw(bufs[i]))
    ensures Accepts(upper, hashToken, Replaced(codes, plane, subject, Digests(upper, hashToken, bufs), firstId),
                    plane, subject, typed)
  {
    var hashes := Digests(upper, hashToken, bufs);
    NormalizesIffRetyped(upper, typed, Raw(bufs[i]));
    GeneratedCodeNormalizes(upper, bufs[i]);
    NewRowMatches(codes, plane, subject, hashes, firstId, i);
  }

  lemma NewRowMatches(codes: Codes, plane: Plane, subject: nat, hashes: seq<string>, firstId: nat, i: nat)
    requires i < |hashes|
    ensures UnusedWith(Replaced(codes, plane, subject, hashes, firstId), plane, subject, hashes[i]) != {}
  {
    NewCodesAre(plane, subject, hashes, firstId);
    var id := firstId + i;
    assert id in NewCodes(plane, subject, hashes, firstId);
    assert id in UnusedWith(Replaced(codes, plane, subject, hashes, firstId), plane, subject, hashes[i]);
  }
}
