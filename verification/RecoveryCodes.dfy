/** Single-use recovery codes: their text forms and their rows (internal/mfa/recovery.go). */
module RecoveryCodes {
  import opened Text
  import opened Base64

  // ---------------------------------------------------------------- text

  const GROUP_SIZE: nat := 4

  /** Thirty-two symbols, none of I, L, O or U. */
  const RECOVERY_ALPHABET := "ABCDEFGHJKMNPQRSTVWXYZ0123456789"

  function SymbolFor(b: Byte): char { RECOVERY_ALPHABET[b % 32] }

  /** Where a symbol stands in the alphabet. */
  function SymbolIndex(c: char): int {
    if c <= '9' then c as int - '0' as int + 22
    else if c <= 'H' then c as int - 'A' as int
    else if c <= 'K' then c as int - 'J' as int + 8
    else if c <= 'N' then c as int - 'M' as int + 10
    else if c <= 'T' then c as int - 'P' as int + 12
    else c as int - 'V' as int + 17
  }

  lemma SymbolAt(i: nat)
    requires i < 32
    ensures SymbolIndex(RECOVERY_ALPHABET[i]) == i
  {
    assert i == 0 || i == 1 || i == 2 || i == 3 || i == 4 || i == 5 || i == 6 || i == 7 || i == 8 || i == 9 || i == 10
           || i == 11 || i == 12 || i == 13 || i == 14 || i == 15 || i == 16 || i == 17 || i == 18 || i == 19 || i == 20
           || i == 21 || i == 22 || i == 23 || i == 24 || i == 25 || i == 26 || i == 27 || i == 28 || i == 29 || i == 30
           || i == 31;
  }

  /** One number in every thirty-two leaves a given remainder. */
  lemma {:induction false} EveryThirtySecond(numbers: set<int>, n: nat, i: nat)
    requires i < 32 && forall b :: b in numbers <==> 0 <= b < 32 * n && b % 32 == i
    ensures |numbers| == n
  {
    if n == 0 {
      assert forall b :: b !in numbers;
    } else {
      var top := 32 * (n - 1) + i;
      assert top in numbers;
      EveryThirtySecond(numbers - {top}, n - 1, i);
    }
  }

  /** No bias: each of the thirty-two symbols is printed by exactly eight of the byte values. */
  lemma EachSymbolFromEightBytes(i: nat)
    requires i < 32
    ensures |set b: Byte | SymbolFor(b) == RECOVERY_ALPHABET[i]| == 8
  {
    forall b: Byte ensures SymbolFor(b) == RECOVERY_ALPHABET[i] <==> b % 32 == i {
      SymbolAt(b % 32);
      SymbolAt(i);
    }
    EveryThirtySecond((set b: Byte | SymbolFor(b) == RECOVERY_ALPHABET[i]), 8, i);
  }

  /** The undecorated code a buffer of random bytes selects. */
  function Raw(buf: Bytes): (s: string)
    ensures |s| == |buf|
  {
    if buf == [] then "" else Raw(buf[..|buf| - 1]) + [SymbolFor(buf[|buf| - 1])]
  }

  /** The code as shown, a dash in front of every group but the first. */
  function Display(raw: string): string {
    if raw == "" then ""
    else
      var n := |raw| - 1;
      Display(raw[..n]) + (if n > 0 && n % GROUP_SIZE == 0 then "-" else "") + [raw[n]]
  }

  /** The symbols stand in groups of four, in order, with a dash between groups and nowhere else. */
  lemma {:induction false} DisplayGroups(raw: string)
    ensures |Display(raw)| == |raw| + (if raw == "" then 0 else (|raw| - 1) / 4)
    ensures forall i :: 0 <= i < |raw| ==> Display(raw)[i + i / 4] == raw[i]
    ensures forall j :: 0 <= j < |Display(raw)| && j % 5 == 4 ==> Display(raw)[j] == '-'
  {
    if raw != "" {
      DisplayGroups(raw[..|raw| - 1]);
    }
  }

  method NewRecoveryCode(buf: Bytes) returns (code: string)
    ensures code == Display(Raw(buf))
  {
    code := "";
    for i := 0 to |buf|
      invariant code == Display(Raw(buf[..i]))
    {
      assert buf[..i + 1][..i] == buf[..i];
      assert Raw(buf[..i + 1])[..i] == Raw(buf[..i]);
      if i > 0 && i % GROUP_SIZE == 0 {
        code := code + "-";
      }
      code := code + [RECOVERY_ALPHABET[buf[i] % |RECOVERY_ALPHABET|]];
    }
    assert buf[..|buf|] == buf;
  }

  /** `strings.ReplaceAll(s, "-", "")`. */
  function StripDashes(s: string): string {
    if s == "" then "" else StripDash(s[0]) + StripDashes(s[1..])
  }

  function StripDash(c: char): string { if c == '-' then "" else [c] }

  function AsciiUpper(c: char): char { if 'a' <= c <= 'z' then c - 'a' + 'A' else c }

  /** `unicode.ToUpper`, about which only the ASCII letters matter here. */
  type Upper = char -> char

  ghost predicate UpperLaw(upper: Upper) { forall c: char :: c < '\U{0080}' ==> upper(c) == AsciiUpper(c) }

  function UpperAll(upper: Upper, s: string): (r: string)
    ensures |r| == |s| && forall i :: 0 <= i < |s| ==> r[i] == upper(s[i])
  {
    if s == "" then "" else [upper(s[0])] + UpperAll(upper, s[1..])
  }

  function NormalizeRecoveryCode(upper: Upper, code: string): string { UpperAll(upper, StripDashes(TrimSpace(code))) }

  /** `typed` is `raw` in any letter case, with dashes anywhere and white space around it. */
  ghost predicate Retypes(typed: string, raw: string) {
    exists pre, body, post :: typed == pre + body + post && Retyping(pre, body, post, raw)
  }

  ghost predicate Retyping(pre: string, body: string, post: string, raw: string) {
    && AllSpace(pre) && AllSpace(post) && Trimmed(body)
    && |StripDashes(body)| == |raw|
    && forall i :: 0 <= i < |raw| ==> StripDashes(body)[i] < '\U{0080}' && AsciiUpper(StripDashes(body)[i]) == raw[i]
  }

  ghost predicate AllAscii(s: string) { forall i :: 0 <= i < |s| ==> s[i] < '\U{0080}' }

  lemma {:induction false} TrimDecomposes(s: string) returns (pre: string, post: string)
    ensures s == pre + TrimSpace(s) + post && AllSpace(pre) && AllSpace(post) && Trimmed(TrimSpace(s))
  {
    pre := CutLeft(s);
    var t := TrimLeft(s);
    post := CutRight(t);
    assert s == pre + (TrimSpace(s) + post);
  }

  lemma {:induction false} CutLeft(s: string) returns (pre: string)
    ensures s == pre + TrimLeft(s) && AllSpace(pre)
    ensures TrimLeft(s) != "" ==> !IsSpace(TrimLeft(s)[0])
  {
    if s != "" && IsSpace(s[0]) {
      var rest := CutLeft(s[1..]);
      pre := [s[0]] + rest;
    } else {
      pre := "";
    }
  }

  lemma {:induction false} CutRight(s: string) returns (post: string)
    ensures s == TrimRight(s) + post && AllSpace(post)
    ensures TrimRight(s) != "" ==> !IsSpace(TrimRight(s)[|TrimRight(s)| - 1]) && TrimRight(s)[0] == s[0]
  {
    if s != "" && IsSpace(s[|s| - 1]) {
      var rest := CutRight(s[..|s| - 1]);
      post := rest + [s[|s| - 1]];
      assert s == s[..|s| - 1] + [s[|s| - 1]];
    } else {
      post := "";
    }
  }

  lemma {:induction false} StripOfAscii(s: string)
    requires AllAscii(s)
    ensures AllAscii(StripDashes(s))
  {
    if s != "" {
      StripOfAscii(s[1..]);
    }
  }

  lemma NormalizesRetyped(upper: Upper, pre: string, body: string, post: string, raw: string)
    requires UpperLaw(upper) && Retyping(pre, body, post, raw)
    ensures NormalizeRecoveryCode(upper, pre + body + post) == raw
  {
    TrimPadded(pre, body, post);
    var stripped := StripDashes(body);
    assert forall i :: 0 <= i < |raw| ==> upper(stripped[i]) == raw[i];
    assert UpperAll(upper, stripped) == raw;
  }

  lemma NormalizedWasRetyped(upper: Upper, typed: string, raw: string)
    requires UpperLaw(upper) && AllAscii(typed) && NormalizeRecoveryCode(upper, typed) == raw
    ensures Retypes(typed, raw)
  {
    var body := TrimSpace(typed);
    var pre, post := TrimDecomposes(typed);
    forall i | 0 <= i < |body| ensures body[i] < '\U{0080}' {
      assert typed[|pre| + i] == (pre + body + post)[|pre| + i] == body[i];
    }
    StripOfAscii(body);
    var stripped := StripDashes(body);
    assert forall i :: 0 <= i < |raw| ==> raw[i] == upper(stripped[i]);
    assert Retyping(pre, body, post, raw);
  }

  /** Normalising recovers the stored form from every retyping, and from an ASCII text only from a retyping. */
  lemma NormalizesIffRetyped(upper: Upper, typed: string, raw: string)
    requires UpperLaw(upper)
    ensures Retypes(typed, raw) ==> NormalizeRecoveryCode(upper, typed) == raw
    ensures AllAscii(typed) && NormalizeRecoveryCode(upper, typed) == raw ==> Retypes(typed, raw)
  {
    if Retypes(typed, raw) {
      var pre, body, post :| typed == pre + body + post && Retyping(pre, body, post, raw);
      NormalizesRetyped(upper, pre, body, post, raw);
    }
    if AllAscii(typed) && NormalizeRecoveryCode(upper, typed) == raw {
      NormalizedWasRetyped(upper, typed, raw);
    }
  }

  lemma {:induction false} StripSnoc(a: string, c: char)
    ensures StripDashes(a + [c]) == StripDashes(a) + StripDash(c)
  {
    if a == "" {
      assert a + [c] == [c];
      assert StripDashes([c][1..]) == "";
    } else {
      StripSnoc(a[1..], c);
      assert (a + [c])[0] == a[0] && (a + [c])[1..] == a[1..] + [c];
    }
  }

  predicate CodeText(raw: string) {
    forall i :: 0 <= i < |raw| ==> ('A' <= raw[i] <= 'Z' || '0' <= raw[i] <= '9')
  }

  lemma {:induction false} RawIsCodeText(buf: Bytes)
    ensures CodeText(Raw(buf))
  {
    if buf != [] {
      RawIsCodeText(buf[..|buf| - 1]);
    }
  }

  lemma {:induction false} DisplayStrips(raw: string)
    requires CodeText(raw)
    ensures StripDashes(Display(raw)) == raw
  {
    if raw != "" {
      var n := |raw| - 1;
      var shown := Display(raw[..n]);
      DisplayStrips(raw[..n]);
      assert raw == raw[..n] + [raw[n]];
      if n > 0 && n % GROUP_SIZE == 0 {
        StripSnoc(shown, '-');
        assert shown + "-" + [raw[n]] == (shown + ['-']) + [raw[n]];
        StripSnoc(shown + ['-'], raw[n]);
      } else {
        assert shown + "" + [raw[n]] == shown + [raw[n]];
        StripSnoc(shown, raw[n]);
      }
    }
  }

  lemma {:induction false} DisplayEnds(raw: string)
    requires CodeText(raw)
    ensures AllAscii(Display(raw))
    ensures raw != "" ==>
              var d := Display(raw); d != "" && d[0] == raw[0] && d[|d| - 1] == raw[|raw| - 1]
  {
    if raw != "" {
      DisplayEnds(raw[..|raw| - 1]);
    }
  }

  lemma ShownIsRetyping(raw: string)
    requires CodeText(raw)
    ensures Retyping("", Display(raw), "", raw)
  {
    var shown := Display(raw);
    DisplayStrips(raw);
    DisplayEnds(raw);
    forall i | 0 <= i < |raw| ensures raw[i] < '\U{0080}' && AsciiUpper(raw[i]) == raw[i] {
      assert 'A' <= raw[i] <= 'Z' || '0' <= raw[i] <= '9';
    }
  }

  /** A generated code, as shown, normalises to its stored form; so distinct stored forms are shown distinctly. */
  lemma GeneratedCodeNormalizes(upper: Upper, buf: Bytes)
    requires UpperLaw(upper)
    ensures NormalizeRecoveryCode(upper, Display(Raw(buf))) == Raw(buf)
  {
    var raw := Raw(buf);
    RawIsCodeText(buf);
    ShownIsRetyping(raw);
    assert "" + Display(raw) + "" == Display(raw);
    NormalizesRetyped(upper, "", Display(raw), "", raw);
  }
}
