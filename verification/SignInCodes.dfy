/** What people actually type: the code that was mailed, shown or printed for an account signs that account in. */
module SignInCodes {
  import opened Wrappers
  import opened Time
  import opened Text
  import opened Base64
  import opened Challenges
  import opened RecoveryCodes
  import opened RecoveryTable
  import opened SecretFormats
  import opened SignIn
  import opened SignInHandlers
  import Totp

  /** Different rows have different printed ids. */
  ghost predicate IdLaw(o: Oracles) { forall a, b :: o.idText(a) == o.idText(b) ==> a == b }

  /** What a right code is, for each kind, in terms of the rows and the cryptography alone. */
  lemma RightCodeIff(o: Oracles, db: Tables, row: Challenge, kind: string, code: string, now: int)
    ensures RightCode(o, db, row, kind, code, now) <==>
              var normal := NormalizeRecoveryCode(o.upper, code);
              if kind == "RECOVERY_CODE" then
                normal != ""
                && exists id :: id in db.codes && db.codes[id] == CodeRow(row.plane, row.subject, o.hashToken(normal), None)
              else if kind == "EMAIL" then
                row.emailCodeRef != ""
                && Open(o.aead, row.emailCodeRef, "mfa-challenge:" + o.idText(row.subject)) == Ok(TrimSpace(code))
              else
                exists f :: && f in db.factors && db.factors[f].plane == row.plane && db.factors[f].subject == row.subject
                            && db.factors[f].totp && db.factors[f].verifiedAt.Some? && db.factors[f].revokedAt.None?
                            && exists secret :: Open(o.aead, db.factors[f].secretRef, "mfa:" + o.idText(f)) == Ok(secret)
                                 && Totp.Accepts(o.mac, o.base32, UpperText(o.upper), secret, code, now / SECOND)
  {
    if kind == "RECOVERY_CODE" {
      var digest := o.hashToken(NormalizeRecoveryCode(o.upper, code));
      assert forall id :: id in UnusedWith(db.codes, row.plane, row.subject, digest)
                          <==> id in db.codes && db.codes[id] == CodeRow(row.plane, row.subject, digest, None);
    } else if kind != "EMAIL" {
      forall f | f in db.factors
        ensures TotpPasses(o, db, row.plane, row.subject, f, code, now) <==>
                  && db.factors[f].plane == row.plane && db.factors[f].subject == row.subject
                  && db.factors[f].totp && db.factors[f].verifiedAt.Some? && db.factors[f].revokedAt.None?
                  && exists secret :: Open(o.aead, db.factors[f].secretRef, "mfa:" + o.idText(f)) == Ok(secret)
                       && Totp.Accepts(o.mac, o.base32, UpperText(o.upper), secret, code, now / SECOND)
      {
      }
    }
  }

  /**
   * A code mailed for one account is right for a challenge that carries it if and only if the challenge is that
   * account's and the code was typed as sent, white space around it aside. Under any other account it is an error.
   */
  lemma MailedCodeIsRight(o: Oracles, db: Tables, row: Challenge, nonce: Bytes, owner: nat, sent: string,
                          typed: string, now: int)
    requires OpenLaw(o.aead) && ContextLaw(o.aead) && IdLaw(o) && |nonce| == NONCE_SIZE
    requires row.emailCodeRef == Seal(o.aead, nonce, sent, "mfa-challenge:" + o.idText(owner))
    ensures RightCode(o, db, row, "EMAIL", typed, now) <==> owner == row.subject && TrimSpace(typed) == sent
    ensures CannotCompare(o, row, "EMAIL") <==> owner != row.subject
  {
    var prefix := "mfa-challenge:";
    SealedValueIsBoundToItsRow(o.aead, nonce, sent, prefix + o.idText(owner), prefix + o.idText(row.subject));
    assert (prefix + o.idText(owner))[|prefix|..] == o.idText(owner);
    assert (prefix + o.idText(row.subject))[|prefix|..] == o.idText(row.subject);
    assert row.emailCodeRef[0] == SEAL_VERSION[0];
  }

  /** The six digits an enrolled authenticator shows are right for 30 seconds either way, typed with any space around. */
  lemma ShownCodeIsRight(o: Oracles, db: Tables, row: Challenge, f: nat, nonce: Bytes, secret: string, kind: string,
                         shownAt: int, now: int, pre: string, post: string)
    requires OpenLaw(o.aead) && ContextLaw(o.aead) && |nonce| == NONCE_SIZE
    requires UsableFactor(db, f, row.plane, row.subject) && kind !in {"RECOVERY_CODE", "EMAIL"}
    requires db.factors[f].secretRef == Seal(o.aead, nonce, secret, "mfa:" + o.idText(f))
    requires 0 <= shownAt / SECOND < 0x8000_0000_0000_0000 && 0 <= now / SECOND < 0x8000_0000_0000_0000
    requires -30 <= shownAt / SECOND - now / SECOND <= 30 && AllSpace(pre) && AllSpace(post)
    requires Totp.Code(o.mac, o.base32, UpperText(o.upper), secret, shownAt / SECOND).Some?
    ensures RightCode(o, db, row, kind,
                      pre + Totp.Code(o.mac, o.base32, UpperText(o.upper), secret, shownAt / SECOND).value + post, now)
  {
    var context := "mfa:" + o.idText(f);
    SealedValueIsBoundToItsRow(o.aead, nonce, secret, context, context);
    Totp.CodeValidWithinOnePeriod(o.mac, o.base32, UpperText(o.upper), secret, shownAt / SECOND, now / SECOND, pre, post);
    var code := pre + Totp.Code(o.mac, o.base32, UpperText(o.upper), secret, shownAt / SECOND).value + post;
    assert TotpPasses(o, db, row.plane, row.subject, f, code, now);
  }

  /** Every code of a set stored for the account is right however it is retyped, and checking it spends it. */
  lemma PrintedCodeIsRight(o: Oracles, db: Tables, row: Challenge, bufs: seq<Bytes>, i: nat, typed: string, now: int)
    requires UpperLaw(o.upper) && i < |bufs| && bufs[i] != [] && Retypes(typed, Raw(bufs[i]))
    ensures var stored := ReplacedCodes(db, row.plane, row.subject, Digests(o.upper, o.hashToken, bufs));
            && RightCode(o, stored, row, "RECOVERY_CODE", typed, now)
            && !RightCode(o, stored.(codes := CodesAfter(o, stored.codes, row, "RECOVERY_CODE", typed, now)), row,
                          "RECOVERY_CODE", typed, now)
  {
    FreshCodesAreAccepted(o.upper, o.hashToken, db.codes, row.plane, row.subject, bufs, db.nextId, i, typed);
  }
}
